# Verified model of the Minecraft panel's state and storage layer

A Dafny model of the parts of the panel that do their own bookkeeping, with proofs of what those parts promise.
`dafny verify dfyconfig.toml` checks the whole project.

## What is modelled

**The transactional restore** (`Tree`, `ScopedFs`, `DirectorySize`, `Archive`, `MemberNames`, `Staging`, `Restore`,
`PathOrder`, `BackupArchive`). A server directory is one mutable map from paths to directories, files and links.
`ScopedFs` is the class of scoped file operations; any forward operation may fail, and a failing write may leave part of
its bytes. A restore expands the archive below a staging name inside the same live tree, with entry, byte and quota
limits, and then renames the staged files over the live ones, keeping a journal. Two constants of the file system decide
which world a theorem is about: `faulty` (may operations fail at all) and `lookupsReliable` (does a metadata lookup of
an existing entry succeed); `removalsFail` says whether removals are among the operations that may. The class keeps a
record of the lookups of existing entries that failed. The all-or-nothing theorem is stated over every failure; the
"exactly when it succeeds" theorem over a machine without faults. The project also models taking the backup (the
worklist walk, the exclusion list, the archive) and proves the round trip.

**The panel store and document** (`Store`, `Settings`, `PanelData`, `Panel`, `PanelRuns`, `Handlers`). `Store` is
`write_atomic` and the transactional update, recording every directory state in which the process can stop; `update` is
`try_update` with a closure that never rejects. `PanelData` is the document with the bootstrap check, and `Settings` the
validation of its parts. `Panel` has the checks and functions the handlers decide with. `PanelRuns` interleaves the
handlers one step at a time with launches, exits, reboots and late backup commits; `Handlers` has them as methods that
change the document in place, each proved to be a run of those steps. A server mutation reads each guardian's
configuration at its own moment and commits later; the commit of an update and the guardian's `set_config` are one step,
since the handler holds both the mutation lock and the resource lock. A launch takes the stored configuration.

**The backup lifecycle** (`Retention`, `BackupRun`, `ResumableUpload`). The retention planner, the create run in which
any upload, delete or store update can fail (a constant for each kind says whether it may) and a failed call may still
have had its effect, and the resumable chunk loop of the Drive client. A create run holds the server's backup lock from
before the archive is taken to its end (`src/api/backups.rs:71-72`; the resource lock alone is given up early), as do
`delete` and `restore`, so two runs of one server never overlap. Runs of other servers do: between its steps the run
meets whatever they did, and it is proved to leave them alone in turn, so the two halves fit together for any number of
runs. The server side of the upload is an assumption: it keeps a prefix of the file, never forgets a byte, ignores bytes
it already holds, and a 2xx or 308 reply to a chunk acknowledges the whole chunk. The client relies on the last point,
because it ignores the `Range` header of a 308 to a data chunk (`src/backups/google_drive.rs:372-380`). A status reply
that can be read is truthful; a 308 without a readable `Range` counts as offset 0, as in the code, and may come any
finite number of times while bytes are committed. Each one can send the client back to the start, which the bound on
requests accounts for. Content-Range positions are inclusive, as in section 14.4 of RFC 9110.

**Playit desired state** (`Playit`). Bindings, the cleanup queue, and a remote side that reports what it likes and whose
deletes can succeed, fail, or lose their reply. The constant `cooperative` says that Playit answers every delete
conclusively and grants every reconcile; most theorems do not need it. "Reported" is what the agent's tunnel listing
answers. The reconcile call is assumed to adopt the stored tunnel if it is still reported, and otherwise to return a
live one.

**Quota accounting and the properties editor** (`Quota`, `Properties`). `Options` holds the option type that all modules
share.

## Where the code does less than its documentation

- A restore is documented as all-or-nothing, but `publish_one` takes a failed metadata lookup for "nothing there"
  (`crates/guardian/src/backup.rs:563-579`). If the lookup of an existing file fails and a later file fails too, that
  file is lost. `Restore.AFailedLookupCanLoseAFile` is such a case. `Restore.RollbackPublished` and `Restore.Restore`
  give the exact condition: an original comes back if and only if its replacement was journalled, and that is exactly
  when its lookup did not fail, so a failed restore is all-or-nothing if and only if no metadata lookup failed, in the
  commit, of a file it had replaced.
- A backup archives names that the restore refuses: a backslash anywhere, or a first letter followed by a colon.
  `BackupArchive.ArchivedButRefused` is such a file; `BackupArchive.RestorableInPlace` states exactly which backups can
  be restored.
- `set_property` "preserves everything else", but reading and writing lines drops one carriage return from every line
  that ends in several. `Properties.SetTwiceCanDiffer` is a text for which setting a key twice differs from setting it
  last; `Properties.SetTwice` is the exact condition.
- `compensate_attach_failure` is meant to leave the desired state as it was. When the local commit of a repair fails and
  the new tunnel is neither deleted nor reported missing, it queues a deletion for a server that keeps its old binding
  (`src/api/playit.rs:391-422`, `crates/playit-integration/src/manager.rs:817-850`). `Playit.CompensationKeeps` says
  that this is exactly when the invariant breaks, and `Playit.CompensationCanBreak` is a run in which it does.
- Reconcile "never deletes a tunnel" (`src/api/playit.rs:549-550`, `src/api/playit.rs:565-566`), but it first retries
  the deletions queued for the server (`src/api/playit.rs:576`), and by then another server may have been attached to
  such a tunnel. `Playit.RetrySparesBound` says exactly when a retry takes away a bound tunnel;
  `Playit.ARetryCanDeleteABoundTunnel` and `Playit.TwoServersOneTunnel` give a run in which one does.
  `Playit.Bindings.HealServer` keeps the promise for every server that is bound when it is reconciled.

## Model

| member | source | states |
|---|---|---|
| Tree.ProperPrefixIsDir | crates/guardian/src/fs.rs:309-332 | in a well-formed tree everything above an entry is a directory |
| Tree.SizeWithout | crates/guardian/src/fs.rs:475-491 | the size of a tree is the size of any one entry plus that of the rest, whatever order a walk takes |
| Tree.SizeOfUnion | crates/guardian/src/fs.rs:475-491 | sizes of disjoint subtrees add up |
| ScopedFiles.ScopedFs.CreateDirAll | crates/guardian/src/fs.rs:195-208 | succeeds only through directories and then exactly the missing prefixes appear; any outcome only adds directories on the way |
| ScopedFiles.ScopedFs.CreateNewFile | crates/guardian/src/fs.rs:135-146 | fails if the name exists; a success adds the empty file and its parents; a failure adds at most those |
| ScopedFiles.ScopedFs.Append | crates/guardian/src/backup.rs:711-750 | a write appends the chunk; a failing one leaves some prefix of it |
| ScopedFiles.ScopedFs.Rename | crates/guardian/src/fs.rs:255-267 | moves the node by name: a file or link replaces a file or link, a directory takes a free name or an empty directory and never goes into itself; a failure only adds directories; allowed exactly when the two names allow it |
| ScopedFiles.WhereThingsCanMove | crates/guardian/src/fs.rs:255-267 | a directory moves to a free name or over an empty directory, never below itself; anything else to any name that is no directory |
| ScopedFiles.MovedKeepsContents | crates/guardian/src/fs.rs:455-473 | what was below the old name of a directory is below the new one, and nothing else has changed |
| ScopedFiles.ScopedFs.Metadata | crates/guardian/src/fs.rs:228-232 | a lookup that answers tells the truth; one that does not may have failed, and every failed lookup of an existing entry is on record |
| ScopedFiles.ScopedFs.Remove | crates/guardian/src/fs.rs:235-250 | removes exactly the entry and what is below it; a failure may have removed part of that |
| DirectorySizes.DirectorySizeFrom | crates/guardian/src/fs.rs:475-491 | the recursive, saturating walk equals the flat sum over the subtree, saturated |
| DirectorySizes.DirectorySize | crates/guardian/src/fs.rs:294-298 | the reported size is the saturated sum of all regular files |
| Archive.SafeMemberStaysInside | crates/guardian/src/backup.rs:83-94 | the path an accepted member name is normalised to consists of proper names, with no separator left in them |
| Archive.MemberNameRoundTrip | crates/guardian/src/backup.rs:701-709 | writing a path and normalising it back is the identity, and exactly when the written form is accepted |
| MemberNames.DotDotIsAComponent | crates/guardian/src/backup.rs:91-93 | a `..` component is two dots between separators or the ends of the name |
| MemberNames.AcceptedNames | crates/guardian/src/backup.rs:83-94 | a name is accepted if and only if, followed component by component, it leads below the destination without ever going up, and holds no backslash and no drive letter; and then it leads to exactly the path it is normalised to |
| MemberNames.OtherSpellings | crates/guardian/src/backup.rs:701-709 | `./p` and `p/` are other spellings of p |
| Archive.ConflictFreePaths | crates/guardian/src/backup.rs:445-481 | conflict-free means: no repeated file, and no file path equal to or above another file or a directory entry |
| Archive.OverlayOneFile | crates/guardian/src/backup.rs:502-508 | one more file changes the projected size by its length minus the length it replaces |
| Archive.OverlaySize | crates/guardian/src/backup.rs:412-414 | directories add nothing: the size of the restored tree is that of the live files overridden by the archive's |
| Archive.PathsIgnoreOrder | crates/guardian/src/backup.rs:422-510 | reordering an archive reorders the file list and changes nothing else in it |
| Archive.OverlayIgnoresOrder | crates/guardian/src/backup.rs:422-510 | reordering a conflict-free archive keeps it conflict-free and gives the same restored tree |
| Staging.CopyLimited | crates/guardian/src/backup.rs:711-750 | the staged file never holds a byte beyond the per-file, total or quota limit; a success holds all of it; succeeds whenever the limits admit it and nothing fails |
| Staging.OpenStaged | crates/guardian/src/backup.rs:463-481 | opening succeeds only for a path no earlier entry used, and learns the size it will replace |
| Staging.WriteStaged | crates/guardian/src/backup.rs:463-498 | a staged file holds the archive's bytes, nothing outside staging moves |
| Staging.StageDirectory | crates/guardian/src/backup.rs:445-453 | a staged directory clashes with no staged file, and exactly when it can be made |
| Staging.StageFile | crates/guardian/src/backup.rs:454-509 | one regular entry: on success staging holds it, the counters still equal the totals and the projected usage, and usage is at most the quota; accepted exactly when EntryAccepted says so |
| Staging.CountFile | crates/guardian/src/backup.rs:499-508 | the running usage stays equal to the size of the tree the restore would produce, and the checked subtraction cannot underflow |
| Staging.AdmitFile | crates/guardian/src/backup.rs:426-509 | an entry that staging lets through keeps the archive conflict-free and within all limits |
| Staging.ExpandableExtends | crates/guardian/src/backup.rs:422-510 | an archive has safe plain entries, no path twice, and counts, totals and usage within the limits if and only if its entries are accepted one after the other |
| Staging.ExpandablePrefix | crates/guardian/src/backup.rs:422-510 | an archive that can be expanded can be expanded up to any entry |
| Restore.StageEntry | crates/guardian/src/backup.rs:422-510 | names that are absolute, climb or hold a backslash, links, special entries and surplus entries are refused; what is accepted is put where its name leads and keeps the whole staging invariant |
| Restore.ReadEntries | crates/guardian/src/backup.rs:422-510 | the loop ends with the whole archive staged and counted, or the live tree as it was |
| Restore.Expand | crates/guardian/src/backup.rs:412-510 | staging the archive never shows outside staging; on success the projected usage is within the quota; without faults it succeeds exactly for expandable archives |
| Restore.PublishOne | crates/guardian/src/backup.rs:548-610 | on success the staged file is in place, and its original is in the journal exactly when its lookup did not fail; a refusal only prepared directories, the original is back in place |
| Restore.Displace | crates/guardian/src/backup.rs:579-597 | moving an original into the journal moves exactly that node |
| Restore.MoveIntoPlace | crates/guardian/src/backup.rs:601-609 | a failed rename gives a displaced original back |
| Restore.NotYetSaved | crates/guardian/src/backup.rs:585-591 | the branch for a repeated member is never taken in a commit |
| Restore.Unrelated | crates/guardian/src/backup.rs:445-481 | the next file to publish is neither above nor below one already published |
| Restore.PublishKeeps | crates/guardian/src/backup.rs:532-545 | every publication keeps the commit invariant: live tree, journal, staged rest, displaced subtree |
| Restore.RefusalKeeps | crates/guardian/src/backup.rs:532-541 | a refused publication leaves a tree the journal can still undo |
| Restore.TiedAfterPublish | crates/guardian/src/backup.rs:532-545 | the journal holds each replaced original exactly when its lookup did not fail, and one more publication keeps that |
| Restore.PublishNext | crates/guardian/src/backup.rs:532-545 | one turn of the commit loop keeps the commit invariant and accounts for every lookup that failed; a refusal leaves a tree and a journal that can be undone |
| Restore.UndoOne | crates/guardian/src/backup.rs:618-623 | undoing removes the published file and puts its original back |
| Restore.UndoKeeps | crates/guardian/src/backup.rs:618-623 | undoing the newest entry puts its original back, unless it was replaced unseen, and disturbs nothing older |
| Restore.UndoKeepsJournal | crates/guardian/src/backup.rs:618-623 | undoing the newest entry leaves what the older ones displaced in its place |
| Restore.RollbackPublished | crates/guardian/src/backup.rs:612-624 | rolling back any journal, newest first, brings back every original except those replaced unseen, which are gone; all of them if and only if none was |
| Restore.AFailedLookupCanLoseAFile | crates/guardian/src/backup.rs:563-609 | a tree in which a failed lookup, a publication and its undoing lose a file |
| Restore.MakeDirectories | crates/guardian/src/backup.rs:526-531 | creating the archive's directories adds only directories, and succeeds when nothing in the live tree conflicts |
| Restore.CommitEnds | crates/guardian/src/backup.rs:515-545 | once the last file is published the live tree is exactly the overlay |
| Restore.CommitStagedTree | crates/guardian/src/backup.rs:515-545 | all files published and the live tree is the overlay, or everything was undone except originals whose lookup failed, of which there are none if lookups are truthful |
| Restore.ExpandAndCommit | crates/guardian/src/backup.rs:403-513 | staging and commit together: overlay within limits and quota, or the live tree undone as far as its journal goes |
| Restore.RemoveStaging | crates/guardian/src/backup.rs:384-387 | removing the staging subtree leaves the live tree alone, and nothing else is left if it works |
| Restore.Restore | crates/guardian/src/backup.rs:324-395 | Err adds only directories and leaves every entry in place if and only if no metadata lookup failed, in the commit, of a file it had replaced; Ok gives exactly the original overridden by the archive, no member of which is absolute or climbs, within every limit and the quota; no staging is left if removals work, except empty directories when making it failed; without faults Ok if and only if the archive is expandable and nothing conflicts |
| BackupArchive.WalkStep | crates/guardian/src/backup.rs:677-699 | one turn of the worklist keeps: no directory is listed twice, and every child of a visited directory is visited or waiting |
| BackupArchive.WalkIsComplete | crates/guardian/src/backup.rs:677-699 | when the worklist is empty every directory has been visited |
| PathOrder.AscendingIsUnique | crates/guardian/src/backup.rs:697 | a set of paths can be listed in order in one way only |
| BackupArchive.WalkScoped | crates/guardian/src/backup.rs:677-699 | the walk ends and lists every regular file exactly once, in path order |
| BackupArchive.WhatIsIncluded | crates/guardian/src/backup.rs:19-22 | exactly five directories and one file at the top are left out |
| BackupArchive.BackupIsDetermined | crates/guardian/src/backup.rs:163-175 | the archive depends on the directory alone, not on the order in which the walk came upon its files |
| BackupArchive.CreateArchive | crates/guardian/src/backup.rs:163-175 | the archive holds exactly the included regular files, each once, with its bytes |
| BackupArchive.BackupIsConflictFree | crates/guardian/src/backup.rs:163-175 | a backup conflicts neither with itself nor with its source, and restoring it there changes nothing |
| BackupArchive.ExcludedIsUntouched | crates/guardian/src/backup.rs:104-113 | no excluded path is written or created by restoring a backup |
| BackupArchive.BackupRestoreRoundTrip | crates/guardian/src/backup.rs:126-216 | over any later tree: every included file has its original bytes again, excluded paths and all other files are as they were |
| BackupArchive.RestorableInPlace | crates/guardian/src/backup.rs:83-94 | a backup can be expanded over its source if and only if all names are accepted and limits and quota admit it |
| BackupArchive.ArchivedButRefused | crates/guardian/src/backup.rs:83-94 | a file that is archived but cannot be restored under any limits |
| BackupArchive.BackupThenRestore | crates/guardian/src/backup.rs:324-395 | the whole cycle over two directories: success brings every backed-up file back and nothing else changes; without faults success if and only if the archive is admissible there |
| ResumableUpload.MergedStaysInStep | src/backups/google_drive.rs:319-451 | merging any part of a chunk keeps the server's bytes a prefix of the file and never shrinks them |
| ResumableUpload.QueryUploadStatus | src/backups/google_drive.rs:224-260 | a status that could be learnt is the committed offset, or 0 for a 308 without a readable Range; the exchange is on record |
| ResumableUpload.PutChunk | src/backups/google_drive.rs:346-389 | the request's range names exactly the bytes it carries, and an acknowledged chunk is committed |
| ResumableUpload.AttemptMade | src/backups/google_drive.rs:395-417 | after a failed attempt the client may ask, or has given up |
| ResumableUpload.StatusAsked | src/backups/google_drive.rs:418-433 | after a status query the next request starts at the offset learnt, or at the same one with the failures still counted |
| ResumableUpload.SendChunk | src/backups/google_drive.rs:391-437 | one to four requests per chunk, each but the first after a failure that can be retried and a status query, from the offset learnt; a chunk is given up exactly on a failure that cannot be retried or the fourth in a row; success means the chunk is committed, a strictly later offset was reported, or a status reply had no readable Range |
| ResumableUpload.Upload | src/backups/google_drive.rs:319-451 | the client follows that protocol throughout; it ends with an error if and only if the local file could not be read or a chunk was given up, and otherwise the server holds exactly the file; every range is faithful and no body larger than 8 MiB; within four requests per byte, and as many again per status reply without a readable Range; without faults it succeeds |
| Retention.ApplyAgeRule | src/backups/retention.rs:22-35 | the age rule keeps the survivors in order and selects exactly the other expired ones |
| Retention.ApplyLimit | src/backups/retention.rs:37-51 | the limit selects exactly what lies beyond it, except the new backup |
| Retention.PlanRetention | src/backups/retention.rs:6-77 | the ids returned are strictly increasing and exactly the selected ones; every other backup older than maxAgeDays days of 24 hours is among them, and nothing else while there are no more backups than the limit |
| Retention.WhatTheAgeRuleSelects | src/backups/retention.rs:62-77 | being too old is more than so many days in seconds; exactly that age and an unreadable timestamp are kept |
| Retention.NewIsNeverSelected | src/backups/retention.rs:6-60 | the new backup is never selected |
| Retention.SortOfFilter | src/backups/retention.rs:6-60 | the stable sort commutes with dropping backups |
| Retention.SelectedSurvivor | src/backups/retention.rs:37-51 | with distinct ids a survivor is selected if and only if it lies beyond the limit and is not the new one |
| Retention.KeptNewestFirst | src/backups/retention.rs:6-60 | what is kept is the newest survivors up to the limit, plus the new backup if it sorts beyond them |
| Retention.KeptCount | src/backups/retention.rs:37-51 | at most max_backups are kept, one more exactly when the new backup sorts beyond the limit |
| Retention.KeepsTheNewest | src/backups/retention.rs:6-60 | no expired backup but the new one is kept, and no unexpired one is deleted that is newer than one kept |
| Retention.LargerLimitDeletesLess | src/backups/retention.rs:37-51 | a larger limit selects a subset |
| Retention.PlanIsIdempotent | src/backups/retention.rs:6-60 | planning again on what was kept selects nothing |
| BackupRun.StillComplete | src/api/backups.rs:288-318 | the new upload and its compensation leave every complete backup complete, whatever other servers' runs do |
| BackupRun.CompleteMeans | src/api/backups.rs:288-318 | a backup is complete if its object exists and the panel lists it |
| BackupRun.PushCompletes | src/api/backups.rs:306-311 | committing the metadata lists the new backup last and disturbs no other server |
| BackupRun.UploadAndPush | src/api/backups.rs:288-318 | upload, commit and compensation: whatever fails, no state has lost the last complete backup, and success ends with the new one complete; a run that fails after the upload ends by deleting the new object, and if that works the server's objects are as before |
| BackupRun.ListedForOneServer | src/api/backups.rs:323-352 | an id listed for one server is listed for no other |
| BackupRun.RetainLeavesOthers | src/api/backups.rs:343-352 | so dropping metadata by id alone disturbs no other server |
| BackupRun.ApplyRetention | src/api/backups.rs:320-352 | the new backup is complete after every change of the deletion loop; every selected one is tried, an object goes before its metadata, and if deletes and updates work all of them are gone |
| BackupRun.RetainKeeps | src/api/backups.rs:343-352 | dropping selected metadata keeps the new backup complete and the later selected ones listed |
| BackupRun.Create | src/api/backups.rs:288-352 | with other servers' runs in between and whatever fails: no state leaves a server that had a complete backup with none, and no step disturbs another server; success ends with the new object stored and listed; a failure after the upload deletes the new object again; exactly the selected backups are tried, no object stays without its metadata, and if nothing fails all of those are gone |
| BackupRun.OthersAreTolerated | src/state.rs:454-467 | any number of steps of other servers' runs, in any order, stays within what a run tolerates between its own |
| Stores.DataDir.CreateTemporary | crates/guardian/src/fs.rs:153-175 | the name loop ends with an unused name, and no document changes |
| Stores.DataDir.WriteAtomic | crates/guardian/src/fs.rs:149-192 | at every stop each document is wholly old, or for the written one wholly new; the reported outcome is what the directory shows; a success leaves no temporary file, nor does a failure if removals work |
| Stores.SamePanel | src/store.rs:273-291 | leftover temporary files do not change what a load reads |
| Stores.Store.constructor | src/store.rs:273-291 | loading starts empty without a file, and else agrees with it |
| Stores.Store.TryUpdate | src/store.rs:345-378 | a rejected closure or failed write changes neither memory nor what a load reads, a committed one changes both, and any stop leaves the old or the new document; without faults it commits if and only if the closure accepts |
| Stores.Store.RunInLockOrder | src/store.rs:309-378 | memory ends as the fold of the committed transactions in lock order, each committed only if it accepts the document it finds (and, without faults, whenever it does), and any stop leaves the fold of a prefix |
| Settings.UpdatedPolicyIsValid | src/api/backup_settings.rs:94-166 | validating only what a PATCH changes keeps a stored backup policy valid |
| Settings.UpdatedPolicyTwice | src/api/backup_settings.rs:381-453 | the same PATCH again changes nothing |
| PanelData.CheckUsers | src/state.rs:677-690 | the loops accept exactly user lists with an administrator, valid names and no repeated name |
| PanelData.ServersOkStep | src/state.rs:691-731 | one more record is acceptable if and only if the rest is and it repeats no id or port and fits the memory |
| PanelData.CheckServers | src/state.rs:691-731 | the loop accepts exactly server lists with unique ids and ports, valid configuration, supervision and binding, and a memory sum within the limit |
| PanelData.CheckPermissions | src/state.rs:733-743 | accepts exactly lists of distinct known servers |
| PanelData.CheckBackups | src/state.rs:754-762 | accepts exactly metadata with valid, unique ids and known servers |
| PanelData.ValidatePersistedInvariants | src/state.rs:676-776 | the bootstrap check accepts a document if and only if all invariants hold |
| PanelData.KeepBackupsUnique | src/state.rs:514-530 | dropping orphaned metadata keeps backup ids unique |
| Settings.LengthInBytes | src/state.rs:682-683 | lengths count the bytes of the UTF-8 form |
| Settings.ConfigLimits | crates/guardian/src/config.rs:149-175 | the limits on a launch configuration, in figures |
| Settings.SupervisionLimits | crates/guardian/src/config.rs:220-245 | the limits on the supervision settings, in figures |
| Settings.PolicyLimits | src/store.rs:87-154 | the limits on ids and on backup policies, in figures |
| Settings.UpdatedPolicyFields | src/api/backup_settings.rs:119-166 | each field given lands in the field of that name, the others stay |
| PanelData.RecordLimits | src/state.rs:677-743 | the limits on one record, account and grant, in figures; a tunnel leads to a loopback address |
| Panel.ValidatedNameIsValid | src/api/servers.rs:161-169 | a name the handlers accept satisfies the bootstrap check |
| Panel.AcceptedName | src/api/servers.rs:161-169 | a name is accepted without the blanks around it if one line of at most 128 bytes is left, and exactly then |
| Panel.ValidateServerIds | src/api/users.rs:61-81 | accepts exactly short lists of distinct, known, printable ids |
| Panel.ValidateAggregateMemory | src/api/servers.rs:221-259 | accepts exactly when the sum, over all servers, of a heap at least the stored one, at least the running one, and one of the two, fits the budget with what is added; no overflow is accepted |
| Panel.DemandIsTheTotal | src/api/servers.rs:212-259 | the demand that is checked is the sum of what the claimants occupy, the changed claim counted once |
| Panel.RecordOkIsWhatBootDemands | src/api/servers.rs:175-185 | the handlers demand of a record what bootstrap does |
| Panel.NewServerFields | src/api/servers.rs:269-292 | a new record holds what was asked for, and the defaults |
| Panel.PatchedFields | src/api/servers.rs:388-437 | a PATCH puts each field it gives into the field of that name and keeps the others |
| Panel.BackupSettings | src/api/backup_settings.rs:94-166 | global settings stay local, a server has its own or none; exact acceptance |
| Panel.UpdateIsIdempotent | src/api/servers.rs:376-456 | an accepted PATCH is accepted again on its own result, and changes nothing more |
| Panel.CountIsOneForTheOnlyAdmin | src/api/users.rs:162-168 | the count that guards demotion and deletion is one exactly when nobody else is an administrator |
| Handlers.Process.CreateSetup | src/api/setup.rs:40-92 | granted if and only if there is no account, and then there is one, an administrator |
| Handlers.Process.CountAdmins | src/api/users.rs:162-168 | the loop counts the administrators |
| Handlers.Process.IsOnlyAdmin | src/api/users.rs:153-184 | the guard on demotion and deletion holds exactly when nobody else is an administrator |
| Handlers.Process.CreateUser | src/api/users.rs:83-127 | appends the account if and only if its name is free and its grant known; a refusal changes nothing; an administrator remains |
| Handlers.Process.UpdateUser | src/api/users.rs:137-190 | changes exactly the given fields of that account, refused if and only if it is missing, the grant is unknown, or the only administrator would be demoted |
| Handlers.Process.DeleteUser | src/api/users.rs:192-221 | removes exactly that account, unless it is the requester or the only administrator; an administrator remains |
| Handlers.Process.ReadActiveConfigs | src/state.rs:279-294 | every guardian is asked, each at its own moment, while processes exit and start |
| Handlers.WhatHasToWait | src/api/servers.rs:261-268 | while a handler holds the mutation lock everything goes on that does not take it |
| Handlers.Process.InsertServer | src/api/servers.rs:300-320 | adds the record if and only if its port is free and its memory fits, as far as was read |
| Handlers.Process.CreateServer | src/api/servers.rs:261-338 | whatever goes on meanwhile, no two servers hold one port afterwards and the heaps fit the budget; a valid request is accepted if and only if port and memory are free at the commit, as far as the guardians were read; a refusal changes nothing |
| Handlers.Process.ReplaceServer | src/api/servers.rs:376-456 | replaces exactly one record by the patched one if and only if the patch is acceptable (name, port free for the others and equal to a binding's, valid record, memory), and else changes nothing |
| Handlers.Process.UpdateServer | src/api/servers.rs:365-459 | whatever goes on meanwhile, no two servers hold one port afterwards and the heaps fit the budget; a patch of an existing server is accepted if and only if it is acceptable at the commit, as far as the guardians were read; no server appears or disappears |
| Handlers.Process.DeleteServer | src/api/servers.rs:562-582 | the record, every permission that names it and its backup metadata go, nothing else |
| PanelRuns.SnapshotCovers | src/state.rs:279-294 | a stale snapshot of the running configurations still accounts for every port and heap in use |
| PanelRuns.CommitCreateKeeps | src/api/servers.rs:300-320 | creating a server on a stale snapshot keeps the invariant |
| PanelRuns.CommitUpdateKeeps | src/api/servers.rs:376-456 | updating a server on a stale snapshot keeps the invariant |
| PanelRuns.DeleteServerKeeps | src/api/servers.rs:562-582 | deleting a server keeps the invariant, permissions included |
| PanelRuns.StartKeeps | src/state.rs:279-294 | a launch on the stored configuration holds no new port or heap and makes no snapshot harmful |
| PanelRuns.BindKeeps | src/api/playit.rs:350-368 | binding a server to its stored port keeps the invariant |
| PanelRuns.BindTakesEffect | src/api/playit.rs:331-385 | binding and unbinding change that field of that record only |
| PanelRuns.StartTakesEffect | src/state.rs:279-294 | a server can be launched, on its stored heap and port, unless it is itself being changed |
| PanelRuns.BackupsTakeEffect | src/api/backups.rs:306-311 | metadata can be committed after its server is gone, and removed at any time |
| PanelRuns.RebootTakesEffect | src/state.rs:514-530 | a stop ends all processes and mutations, and a start keeps exactly the metadata of known servers |
| PanelRuns.PatchPolicyKeeps | src/api/backup_settings.rs:381-453 | changing a server's backup policy keeps the document valid |
| PanelRuns.AdminSurvives | src/api/users.rs:153-184 | exchanging or removing one account keeps an administrator unless it was the last |
| PanelRuns.StepKeeps | src/state.rs:676-776 | every step of every handler, process and reboot keeps the invariant |
| PanelRuns.RunKeeps | src/state.rs:676-776 | so does every run |
| PanelRuns.RunsShareNoPortAndFitTheBudget | src/api/servers.rs:195-259 | in any run two servers differ in their stored ports, their running ports, and the one's stored from the other's running; the sum over all servers of a heap at least the stored and at least the running one is within the budget |
| PanelRuns.RunsKeepBindingPorts | src/api/playit.rs:361-366 | in any run a tunnel leads to a loopback address and the non-zero port its server is configured for |
| PanelRuns.RunsBootAgain | src/state.rs:636-776 | a document left by any run passes the bootstrap check under the same limits once orphaned metadata is removed |
| PanelRuns.BootWithoutCleanup | src/state.rs:163-170 | removing orphans first is needed if and only if some backup's server is gone |
| PanelRuns.AccountsStay | src/api/users.rs:202-216 | no step empties a non-empty account list |
| PanelRuns.SetupOnceAndAdminForever | src/api/setup.rs:66-81 | setup is granted at most once in any run; once an account exists an administrator exists for the rest of it |
| Playit.RebindKeeps | src/api/playit.rs:331-385 | binding a server whose cleanup is settled loses no tunnel, and ends whatever had become of the bound one |
| Playit.BoundAgainIsBoundAnew | src/api/playit.rs:331-385 | a tunnel that is bound again is excused by nothing in its past: dropping its binding loses it unless another binding or the queue has it |
| Playit.UnbindKeeps | src/api/playit.rs:451-477 | unbinding and queueing in one transaction loses no tunnel |
| Playit.ForgetKeeps | src/api/playit.rs:505-540 | forgetting empties the server's queue and binding and accounts for each tunnel dropped |
| Playit.RemoteDeleteKeeps | src/api/playit.rs:479-496 | a remote delete, with its reply lost or not, keeps the invariant, and a conclusive answer puts the tunnel's fate on record |
| Playit.SettledEntryCanGo | src/api/playit.rs:929-945 | dropping the cleanup entry of a tunnel that met its fate keeps the invariant |
| Playit.RetryOneKeeps | src/api/playit.rs:957-979 | a cleanup entry goes only when its tunnel is deleted or not reported |
| Playit.DeleteServerKeeps | src/api/servers.rs:562-582 | deleting a bound server queues its tunnel in the same transaction |
| Playit.StepKeeps | src/api/playit.rs:265-647 | every handler step keeps the desired-state invariant |
| Playit.RunKeeps | src/api/playit.rs:265-647 | so does every run |
| Playit.NoTunnelIsLost | src/api/playit.rs:265-647 | in any run a bound server has no cleanup entry, the queue has no duplicates, and every tunnel ever bound is bound, queued, deleted, found missing or forgotten |
| Playit.FatesAreEarned | src/api/playit.rs:437-540 | a tunnel becomes missing, deleted or forgotten only when it really does, and is none of these once bound again |
| Playit.CompensationKeeps | src/api/playit.rs:391-422 | compensating a failed attach keeps the invariant if and only if it does not queue a deletion for a server that is bound |
| Playit.CompensationCanBreak | src/api/playit.rs:391-422 | a run after which it does |
| Playit.RetrySparesBound | src/api/playit.rs:957-979 | a retry leaves every bound, reported tunnel reported unless it deletes one that another server is bound to |
| Playit.ARetryCanDeleteABoundTunnel | src/api/playit.rs:568-576 | after a detach and another server's attach to the same tunnel, it does that |
| Playit.TwoServersOneTunnel | src/api/playit.rs:265-389 | such a state can be reached |
| Playit.AccountDeleteSparesBound | src/api/playit.rs:190-222 | deleting a tunnel of the account leaves bound tunnels alone |
| Playit.Bindings.QueueCleanup | src/store.rs:251-263 | queueing twice is queueing once |
| Playit.Bindings.SettleCleanup | src/api/playit.rs:961-978 | a queued entry goes exactly on a conclusive answer, and then its tunnel has met its fate |
| Playit.Bindings.RetryServerCleanup | src/api/playit.rs:957-979 | whatever Playit answers, each entry of the server is still queued or its tunnel has met its fate, no other entry is touched and no tunnel deleted that was not queued; if Playit cooperates nothing stays queued for the server |
| Playit.Bindings.AttachServer | src/api/playit.rs:265-389 | an unbound server is attached only once its cleanup is settled; success leaves it bound to a reported tunnel with nothing queued, a refusal leaves all bindings as they were and means that Playit did not cooperate |
| Playit.Bindings.HealServer | src/api/playit.rs:568-647 | healing repairs the binding of a bound server, so that it leads to a reported tunnel, and then deletes no tunnel; otherwise it only retries the deletions queued for the server; the set of bound servers stays, and if Playit cooperates it succeeds exactly for bound servers |
| Playit.Bindings.DetachServer | src/api/playit.rs:437-503 | whatever Playit answers, the server is unbound and its tunnel deleted, found missing or queued; if Playit cooperates it is no longer queued or reported |
| Playit.Bindings.ForgetServer | src/api/playit.rs:505-540 | the server ends unbound with nothing queued |
| Playit.Bindings.DeleteTunnelOfAccount | src/api/playit.rs:190-222 | refused, touching nothing, exactly for bound tunnels if Playit cooperates; a success means the tunnel is gone |
| Playit.Bindings.DeleteServerTunnel | src/api/servers.rs:562-618 | deleting a server leaves its tunnel deleted, found missing or queued; if Playit cooperates it is no longer queued or reported |
| Quota.Receive | src/api/files.rs:451-492 | every chunk is checked before it is written; the file is the chunks joined; accepted exactly when the total fits |
| Quota.JoinedInOrder | src/api/files.rs:451-492 | however a body is cut into chunks, its bytes arrive once and in order |
| Quota.StageField | src/api/files.rs:450-501 | a received field sits in its temporary file; a failed one leaves at most that file behind, and an empty one at most if removals work |
| Quota.PublishTemporary | src/api/files.rs:502-505 | publishing puts the bytes at the target and leaves no temporary file; a failure leaves at most that file behind, and an empty one at most if removals work |
| Quota.PublishField | src/api/files.rs:430-508 | one field changes exactly its file, and the counters still bound the real size; a failed one leaves at most its temporary file behind |
| Quota.FileOfAnUpload | src/api/files.rs:430-508 | an uploaded file is in the directory under its own name, with the bytes of the last field of that name |
| Quota.RestOfAnUpload | src/api/files.rs:430-508 | nothing changes under any other name |
| Quota.CountersDominate | src/api/files.rs:416-507 | real size + replaced <= existing + written for any fields |
| Quota.CountersAreExact | src/api/files.rs:416-507 | with equality when no path is uploaded twice |
| Quota.AcceptedIsWithin | src/api/files.rs:459-478 | accepted fields leave a directory within the quota |
| Quota.Upload | src/api/files.rs:403-512 | the directory is within the quota after every published file, also with repeated paths; a refusal has published a prefix and left at most one temporary file and directories on the way; without faults accepted if and only if the upload fits |
| Quota.Extraction.Count | src/api/files.rs:557-565 | counts, and refuses the first entry over the limit |
| Quota.Extraction.Fill | src/api/files.rs:573-607 | every check precedes its write; succeeds exactly when the limits admit the member |
| Quota.Extraction.FillMember | src/api/files.rs:573-619 | a member is published whole, or at most its temporary file is left behind; either way no byte passed a limit |
| Quota.Extraction.CopyFile | src/api/files.rs:567-621 | a member is extracted whole and counted, or nothing is counted and at most its temporary file and directories are left; the quota holds either way |
| Quota.Extraction.ExtractOne | src/api/files.rs:635-669 | one member: extracted exactly when it fits |
| Quota.MembersAreWithin | src/api/files.rs:598-602 | members that fit leave at most base + extracted bytes, within the quota once a byte was extracted |
| Quota.FileOfAnExtraction | src/api/files.rs:635-669 | an extracted file is below the destination under its path in the archive |
| Quota.Extraction.ExtractAll | src/api/files.rs:624-732 | on success the tree is what the members ask for; a failure extracted a prefix and left at most one temporary file and directories on the way; after every member, and at the end of any outcome, the bounds and the quota hold; without faults it succeeds if and only if all members fit |
| Properties.SetProperty | crates/guardian/src/environment.rs:277-301 | the loop replaces the key's first active line or appends one |
| Properties.LinesOfUnlines | crates/guardian/src/environment.rs:277-301 | writing lines and reading them back loses trailing carriage returns only |
| Properties.OtherLinesAreKept | crates/guardian/src/environment.rs:277-301 | all other lines keep content and order, up to a carriage return at their end |
| Properties.GetAfterSet | crates/guardian/src/environment.rs:277-301 | the key's first active line reads back the value |
| Properties.WhichKeyALineSets | crates/guardian/src/environment.rs:282-293 | blanks around a key and everything after the first `=` do not matter, and a comment sets nothing |
| Properties.SetTwice | crates/guardian/src/environment.rs:277-301 | setting twice equals setting last if and only if no other line keeps a carriage return at its end |
| Properties.SetTwiceCanDiffer | crates/guardian/src/environment.rs:277-301 | a text for which it does not |
| Properties.SetsCommute | crates/guardian/src/environment.rs:277-301 | edits of two keys commute if and only if at least one is already set |
| Properties.TrimTwice | src/api/servers.rs:161-169 | trimming is idempotent, so a stored name passes validation again |

## Left out

- Restore.Restore: a process kill in mid-commit, and a reverse rename or removal that fails during the rollback, which the code documents as best effort (`crates/guardian/src/backup.rs:614-616`), are not covered; the `Trust` argument marks the operations assumed to work.
- Windows: the branch of `replace_in_parent` that removes the destination before the rename.
- Links, permissions and special files: a link is an inert leaf that no operation follows; permission bits appear only as operations that may fail.
- Finding and opening an archive by id, the tar, zip, gzip and multipart byte formats, and HTTP; an archive is a sequence of entries and an upload a sequence of chunks.
- BackupArchive.CreateArchive: the limit on the compressed output is a failure that can happen at any file, and the temporary archive name is not modelled.
- Quota.Upload: fields without a file name, which the handler skips, and names `filename` refuses are taken out beforehand.
- Quota.Extraction.ExtractAll: members are taken after the name and kind checks; a member that fails those stops the extraction like any other failure. A tar header's declared size is the length of its content.
- Settings.ValidConfig: the server directory, which the panel sets itself to a non-empty path and rewrites at start, and the EULA flag, which is not validated.
- Handlers.Process.DeleteServer: waiting for the process to settle is its precondition, and the Playit entry queued in the same transaction is in Playit.Bindings.DeleteServerTunnel.
- Handlers.Process.CreateSetup: password rules and hashing; the hash is opaque.
- Retention.PlanRetention: timestamps are an ordered sort key and an age in seconds, ids are integers in their sort order.
- ResumableUpload.Upload: opening the session, tokens, delays and the final listing; whether an error counts as retryable is left open, so the result holds for any classification.
- BackupRun.Create: staging the archive, checksums and the choice of provider. Deleting the server during its own run, and `delete` of one backup (the metadata step RemoveBackup in PanelRuns), which waits for the run, are not among the steps in between.
- Playit.NoTunnelIsLost: store writes succeed; the compensation of an attach whose write fails is Playit.Compensate, outside the runs. Agents, addresses, tunnel names and the status view are not modelled.
- Playit.Bindings.AttachServer: the refusals for a changed association or port cannot happen under the mutation lock; the first is asserted, the second is PanelRuns.RunsKeepBindingPorts.
- Stores.Store.TryUpdate: the JSON format is any encoding that can be decoded again; a corrupt document, which makes a load fail, is not modelled.
- Startup retention, migration of backup metadata, password changes, sessions, tickets and recovery: easy members or I/O.
- `guardian::process`, `sandbox`, `java-path` and `minecraft-core` are not part of this model, and of `playit-integration` only the outcomes of its calls are.
