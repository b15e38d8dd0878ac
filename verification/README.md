# Fleetty: verified models of its protocols

Fleetty shows the state of machines in a terminal, cleans up their disks, and updates whole fleets of them. Beneath
the screens lie protocols that move and destroy files, install services, hand updates from machine to machine and
share connections. This project states what those protocols promise and proves it in Dafny. `dafny verify
dfyconfig.toml` checks everything.

## How the modules fit together

**Shared disk.** `SharedDisk` is a file system as a map from paths to inodes; every write gives an inode a new stamp,
which is what the program compares as a file's identity. `FileCalls.FileSystem` offers the system calls. Each call may
fail without effect, and other processes act between any two calls: they rewrite and truncate files, change their
metadata, remove names and create new objects, wherever the program does not rely on a name staying free (its private
workspaces and the path it is about to put back). They do not rename: no path gains an object that existed before.
What a rename can do to the checks is stated in `MovedFiles`, what a late write can do to an archived source in
`LateWrites`. A ghost record keeps every state passed through, so that
claims about the past ("was verified before it was destroyed") can be made.

The guarantees against interference and failures have a counterpart: undisturbed (`calm`: no other process acts;
`reliable`: a call fails only for a reason that the state shows) an operation does what it is for, and exactly when
its documented conditions hold.

**Destructive storage operations.** `DedupeLink` replaces a verified duplicate by a symbolic link, `StorageActions`
deletes and archives. The main results say which object can be destroyed at all, what had to be true of it before, and
where it is on every other exit. `DedupeScript` and `DedupePlan` write a reviewed plan as a shell script, read it back
by the quoting rules of section 2.2 of the Shell Command Language (POSIX.1-2017) and by the program's own argument
parser, and run it: all listed paths then still read the same bytes (`DedupePlan.RunScript` is the whole way). `DuplicateGroups` forms the groups, and
`ReviewedPlan` shows that they make a valid plan whichever copies are kept.

**Fleet updates.** `FleetManifest` checks a manifest and resolves its target tree; `RelayBundle` builds the manifest
and files for a relay; `RelayLoad` shows that the relay reads back the same tree, and so do all relays below it;
`Cascade` is the rehearse-then-apply protocol over that tree, with connections that break anywhere.

**Installation.** `FileTransaction` replaces files with a log and takes them back in reverse order; `Install` wraps
that in the protocol with the service manager.

**Storage map.** `StorageScan` and `StorageParallel` measure a tree with one worker and with many; `UpdateChannel`
carries the newest result to the page; `LruList` and `StorageMap` are the cache and the displayed state;
`StoragePager` and `StorageTreemap` cut entries into pages and tile a box with them.

**Smaller machines.** `RpcPool` is the connection shared by concurrent callers, `History` the bounded metric history
with its file, `WidgetGrid` the row packer of the dashboard, `CpuChart` the bar geometry and its click arithmetic.

## Where the code does less than one might expect

Each of these is stated as an exact condition, with a concrete case:

- A file that is renamed away and back while its path is hashed passes a round of checks although another file was
  hashed. Whatever the file holds, the round passes; it means that the file has the hash if and only if the object that
  was opened for hashing is the file itself, which its identity would tell (`MovedFiles.IdentityDecides`).
  `MovedFiles.DecoyDestroys` takes such a decoy through both rounds of a whole replacement, to the removed duplicate.
- An archived source is not looked at again after it was packed, and a descriptor that was open before still reaches it.
  What is deleted is what was packed if and only if no write reached it since then or the last one wrote the same
  (`LateWrites.PackedExactly`); its stamp tells (`LateWrites.StampTells`, `StorageActions.ArchiveAndDelete`).
  `LateWrites.WriteIsLost` is a record in which such a write is lost.
- A history file that cannot be opened at a restart is not just missing from memory: no time of the last rewriting is
  known then, so the next sample rewrites the file from memory. The file is complete after that if and only if what
  memory lacks is beyond the retention (`History.RewrittenExactly`, `History.RewriteExample`).
- A leaf is descended into as well, so a target tree has at most seven levels although the depth limit is eight
  (`FleetManifest.DocumentAccepted`; `FleetDepth.DepthIsOneLess` for a chain of relays of any height).
- A program file named `cascade.json` is overwritten by the relay's manifest and the relay then refuses it
  (`RelayLoad.RelayReadsBack`, `RelayLoad.ClashIsRefused`).
- A configuration file at the path that serves as the backup of another one is dropped with the backups
  (`Install.InstalledExactly`, `Install.ClashExample`).
- A listed file whose name ends in white space is quoted correctly in the dedupe script, but the program trims the
  argument and looks for another file (`DedupePlan.CommandIsRequest`, `DedupePlan.BlankEndIsLost`).
- After a deletion the map on display is stored in the cache again before the new scan starts. The cache then holds
  something related to the deleted path if and only if that map was related to it and was finished or showed an entry
  (`StorageMap.ReturnsExactly`, `StorageMap.ReturnExample`).

## Model

| member | source | states |
|---|---|---|
| SharedDisk.RelLeadsBack | cmd/fleetty/storage_dedupe_link.go:177-184 | the relative link text computed for the kept file leads back to that file from the directory of the link |
| DedupeLink.BindingHeld | cmd/fleetty/storage_dedupe_link.go:109-120 | a path seen bound to the same old object twice was bound to it in between, where other processes may do anything but rename an existing object onto it |
| DedupeLink.ContentHeld | cmd/fleetty/storage_dedupe_link.go:117-119 | an object with the same identity stamp at two moments had the same contents in between |
| DedupeLink.HashHeld | cmd/fleetty/storage_dedupe_link.go:103-120 | a file inspected before and after being hashed through its path, with one identity, still has the hashed contents, where nobody renames an existing object onto the path |
| MovedFiles.ObjectsAge | cmd/fleetty/storage_dedupe_link.go:117-119 | through any number of edits and renames by other processes, objects change only under a new stamp |
| MovedFiles.SameObjectIsHeld | cmd/fleetty/storage_dedupe_link.go:103-120 | through any edits and renames, a file inspected before and after has the planned hash if the object opened for hashing was the file itself |
| MovedFiles.IdentityDecides | cmd/fleetty/storage_dedupe_link.go:242-254 | the checks mean, whatever the file holds, that it holds what was hashed if and only if the object opened for hashing was the file itself |
| MovedFiles.DecoyDestroys | cmd/fleetty/storage_dedupe_link.go:84-203 | a decoy that stands in for the kept file while its path is hashed passes both rounds of a whole replacement; the duplicate is removed and its path then reads whatever the kept file holds |
| MovedFiles.DecoyExample | cmd/fleetty/storage_dedupe_link.go:84-203 | three concrete files for that: the kept one never had the hash |
| DedupeLink.BothVerified | cmd/fleetty/storage_dedupe_link.go:147-171 | equal identities around the second hashing prove that keeper and isolated duplicate both had the planned hash at the last inspection |
| DedupeLink.CheckBefore | cmd/fleetty/storage_dedupe_link.go:84-120 | only two different regular files of one size with the same metadata pass, after both paths led to the planned hash and still name the files seen at first |
| DedupeLink.StampHeld | cmd/fleetty/storage_dedupe_link.go:117-119 | an identity that is back was never gone |
| DedupeLink.Isolate | cmd/fleetty/storage_dedupe_link.go:122-132 | the duplicate is either still where it was or alone in a private workspace; undisturbed, it is isolated and nothing else is different |
| DedupeLink.CheckIsolated | cmd/fleetty/storage_dedupe_link.go:147-176 | what the second round of checks establishes about the isolated duplicate and the keeper |
| DedupeLink.Publish | cmd/fleetty/storage_dedupe_link.go:177-196 | a published link is in place and was followed to the verified keeper |
| DedupeLink.Restore | cmd/fleetty/storage_dedupe_link.go:133-146 | after any failure the duplicate is back at its path or in the workspace that is reported, and back if the calls work |
| DedupeLink.ReplaceDuplicate | cmd/fleetty/storage_dedupe_link.go:76-204 | under interference and failures the duplicate is destroyed only with the link in place, after it was verified in isolation, and after the link was followed, with the duplicate still in the workspace, to a keeper that held the planned hash then; otherwise it is back at its path or in the workspace; undisturbed, a request is carried out if and only if the two files are such duplicates and the link to the kept one is acceptable |
| DedupeScript.QuotedTextIsRead | cmd/fleetty/storage_duplicates.go:742-744 | a shell reads any text, written with the quoting used here, back as that text |
| DedupeScript.CommentPathHasNoBreak | cmd/fleetty/storage_duplicates.go:746-749 | a path shown in a comment cannot end the comment |
| DedupeScript.LinkLinesAreRead | cmd/fleetty/storage_duplicates.go:698-707 | the lines of a group are read as one command for each copy that is not kept |
| DedupeScript.ScriptIsRead | cmd/fleetty/storage_duplicates.go:683-714 | the whole body of the script is read as exactly the link commands of all groups, in order, and the final echo |
| DedupeScript.WriteScript | cmd/fleetty/storage_duplicates.go:683-714 | the loops write that body, or refuse an invalid or empty plan |
| Paths.PathIsRead | cmd/fleetty/storage_dedupe_link.go:63-64 | cleaning the text of a clean absolute path gives the path back |
| DedupePlan.CommandIsRequest | cmd/fleetty/storage_dedupe_link.go:21-74 | a written command is understood as the listed request if and only if neither path ends in white space |
| DedupePlan.BlankEndIsLost | cmd/fleetty/storage_dedupe_link.go:46-64 | a concrete listed file that is not found because its name ends in a blank |
| DedupePlan.PlanIsRead | cmd/fleetty/storage_duplicates.go:684-708 | for every grouping and choice of keepers the script, read by shell and program, makes exactly one request for each other copy if and only if no listed path ends in white space |
| DedupePlan.ScriptIsReadable | cmd/fleetty/storage_duplicates.go:672-714 | the shell can read the script of every valid plan |
| DedupePlan.PlanKeepsKeepers | cmd/fleetty/storage_duplicates.go:693-705 | no request of a plan replaces a file that another request keeps |
| DedupePlan.PlanReplacesOnce | cmd/fleetty/storage_duplicates.go:693-705 | no file is replaced by two requests of a plan |
| DedupePlan.PlanIsFulfillable | cmd/fleetty/storage_duplicates.go:684-708 | while the disk is as it was scanned, every request of the plan can be fulfilled, so the plan meets what its run to the end asks for |
| DedupePlan.RunRequest | cmd/fleetty/storage_dedupe_link.go:76-204 | what one request does on a disk without interference: nothing, or exactly one path becomes a link to a file with the same hash; undisturbed, it is completed exactly when it can be fulfilled |
| DedupePlan.RunPlan | cmd/fleetty/storage_duplicates.go:672-714 | running all requests in order, stopping at the first failure, keeps every file or leaves a link to its kept copy; undisturbed, a plan whose requests can be fulfilled is run to its end |
| DedupePlan.PlanKeepsBytes | cmd/fleetty/storage_duplicates.go:672-714 | whatever a run reached, every listed path still reads the same bytes and every kept file is the same file |
| DedupePlan.RunScript | cmd/fleetty/storage_duplicates.go:672-714 | a reviewed plan, written as a script, read back and run undisturbed on the disk as it was scanned: every file reads the same bytes, the kept files stay, and if no call fails every other listed file ends as a link to its kept copy |
| DedupePlan.RequestFor | cmd/fleetty/storage_duplicates.go:698-705 | every listed file that is not kept has its request |
| DuplicateGroups.Collect | cmd/fleetty/storage_duplicates.go:463-486 | hashes are collected under size, digest, mode and owner; unreadable files under no key, and counted |
| DuplicateGroups.MakeGroups | cmd/fleetty/storage_duplicates.go:488-512 | there is exactly one group for each key with two copies or more and no other, and the total is the sum of the groups |
| DuplicateGroups.ListedOnce | cmd/fleetty/storage_duplicates.go:459-508 | no file is listed twice, in one group or in two |
| ReviewedPlan.EveryChoiceIsValid | cmd/fleetty/storage_duplicates.go:459-512 | the groups of a search over distinct files make a valid plan for every choice of keepers, and the script lists the paths found |
| DuplicateGroups.SortSorts | cmd/fleetty/storage_duplicates.go:492-502 | the copies of a group are permuted into the order by depth, length and name |
| DuplicateGroups.OneOrder | cmd/fleetty/storage_duplicates.go:492-502 | that order determines the sequence |
| DuplicateGroups.ArrivalDoesNotMatter | cmd/fleetty/storage_duplicates.go:463-508 | hashing workers may finish in any order, the groups are the same |
| DuplicateGroups.KeptAndSaved | cmd/fleetty/storage_duplicates.go:525-533 | what is kept and what can be saved add up to what all copies occupy, whichever copy is kept |
| DuplicateGroups.ReclaimableOf | cmd/fleetty/storage_duplicates.go:525-533 | the loop adds up all copies but the kept one |
| DuplicateGroups.DuplicateState.CycleKeeper | cmd/fleetty/storage_duplicates.go:224-243 | the next copy becomes the keeper, other groups stay, and the total remains the sum without ever being cut off at zero |
| StorageActions.RemoveTarget | cmd/fleetty/storage_actions.go:313-346 | only an object that had the confirmed identity in the quarantine is destroyed, even if the path was swapped before; any other one is back at the path or still in the quarantine, and nothing else that existed is lost; undisturbed, exactly the confirmed object is gone, or nothing is different |
| StorageActions.RestoreStaged | cmd/fleetty/storage_actions.go:354-365 | an isolated object is put back only onto a free path and otherwise stays where it is; undisturbed, it is back and the workspace is gone |
| StorageActions.NextArchivePath | cmd/fleetty/storage_actions.go:495-511 | the first free candidate name is chosen; all earlier ones were seen taken |
| StorageActions.PackAndTest | cmd/fleetty/storage_actions.go:400-447 | an archive that passes is intact and holds the contents the source had when it was packed |
| StorageActions.PublishArchive | cmd/fleetty/storage_actions.go:454-459 | the tested archive appears under a name that was free and overwrites nothing |
| StorageActions.ArchiveAndDelete | cmd/fleetty/storage_actions.go:367-480 | at every step and under any failures the source is at its path, in the workspace, or in a published archive of it that had passed its test; the source is destroyed only after that, from the workspace, and if it still had the stamp then that it was packed with, what was destroyed is what the archive holds; undisturbed, the archive under the first free name has taken the source's place exactly if the identity was confirmed and a name is free, and otherwise nothing is different |
| StorageActions.ArchiveStaged | cmd/fleetty/storage_actions.go:386-480 | the same for the part after the source was isolated |
| StorageActions.StampMeansPacked | cmd/fleetty/storage_actions.go:400-463 | a source that still has the stamp it was packed with has the contents that were packed |
| LateWrites.StampTells | cmd/fleetty/storage_actions.go:386-475 | over any edits of other processes an object has a new stamp if and only if some write reached it, and holds what was written last |
| LateWrites.PackedExactly | cmd/fleetty/storage_actions.go:400-475 | what is deleted is what was packed if and only if no write reached it in between or the last one wrote the same |
| LateWrites.WriteIsLost | cmd/fleetty/storage_actions.go:454-475 | a record with a tested and published archive whose source was deleted with other contents |
| LateWrites.RecordIsPossible | cmd/fleetty/storage_actions.go:454-475 | the calls and other processes can produce that record |
| FleetManifest.Resolver.ResolveTargets | cmd/fleettyctl/manifest.go:179-295 | the walk with its shared counter and name set computes the specified tree or the first problem in document order |
| FleetManifest.ListAccepted | cmd/fleettyctl/manifest.go:182-294 | a list is accepted if and only if each entry passes, depth and count limits hold and no name repeats; counter and names move on by exactly its entries |
| FleetManifest.NewNamesMeans | cmd/fleettyctl/manifest.go:204-207 | taking names one by one succeeds exactly if none repeats and none is taken |
| FleetManifest.TargetsAreNumbered | cmd/fleettyctl/manifest.go:187-292 | resolved targets carry the entries' names and consecutive numbers in document order |
| FleetManifest.Manifest.ValidateAndResolve | cmd/fleettyctl/manifest.go:148-296 | the method computes the specified loading and fills in the defaults |
| FleetManifest.DocumentAccepted | cmd/fleettyctl/manifest.go:148-296 | which manifests are accepted: header in range, all targets pass, at most seven levels and 512 targets, names differ |
| FleetDepth.DepthIsOneLess | cmd/fleettyctl/manifest.go:179-292 | a chain of relays over a node that passes every other check is accepted if and only if it has at most seven levels |
| FleetDepth.SevenNotEight | cmd/fleettyctl/manifest.go:179-292 | the chain of seven levels is accepted, the chain of eight is refused |
| RelayBundle.MergeFiles | cmd/fleettyctl/cascade.go:242-252 | files of a subtree join the bundle in any order with one result: existing ones stay, different contents of one name collide |
| RelayBundle.BuildRelayManifest | cmd/fleettyctl/cascade.go:212-260 | the loops compute the specified bundle or the first problem |
| RelayBundle.BuildsExactly | cmd/fleettyctl/cascade.go:215-259 | a bundle can be built if and only if every target fits by itself and files of one name have one content |
| RelayBundle.BuildMeans | cmd/fleettyctl/cascade.go:215-259 | every file name in a bundle carries the hash that all targets of that name expect, and the entries are those of the tree |
| RelayLoad.ResolvedIsGood | cmd/fleettyctl/manifest.go:193-291 | what the loader returns is normalised and has the shape and the names of the entries |
| RelayLoad.EntryReadsBack | cmd/fleettyctl/cascade.go:253-257 | a relay accepts a written target if and only if the staged file has the written hash, and gets the same target |
| RelayLoad.Upload | cmd/fleettyctl/cascade.go:152-196 | an upload that succeeds leaves every file of the bundle, the program and the manifest in the staging directory and changes nothing outside |
| RelayLoad.BundleLeavesProgram | cmd/fleettyctl/cascade.go:225-232 | a bundle that was built never contains a file named like the relay's own program |
| RelayLoad.DeliveryCarries | cmd/fleettyctl/cascade.go:193-196 | all files arrive with their contents if and only if the manifest overwrote none of them |
| RelayLoad.RelayReadsBack | cmd/fleettyctl/manifest.go:78-99 | the relay's loader accepts the generated manifest if and only if no different file of the bundle has its name, and then works on the same tree up to numbers, file locations and filled-in checksums |
| RelayLoad.WrittenAgain | cmd/fleettyctl/cascade.go:238-257 | a relay writes for its own relays exactly the entries it was sent |
| RelayLoad.HandedOn | cmd/fleettyctl/cascade.go:148-172 | the tree a relay got is again fit to be handed on |
| RelayLoad.ReadyOnRelay | cmd/fleettyctl/cascade.go:212-260 | every relay further down can build its own bundle from the files it was handed |
| RelayLoad.FleetIsServed | cmd/fleettyctl/cascade.go:118-210 | once the operator's bundles can be built and no file has the manifest's name, every relay at every depth builds and loads |
| RelayLoad.ClashIsRefused | cmd/fleettyctl/cascade.go:193-196 | a concrete program file named like the manifest that the relay refuses |
| Cascade.PlanRelay | cmd/fleettyctl/cascade.go:40-75 | a relay is deferred only if unreachable, and planned without error only after a clean rehearsal of its subtree |
| Cascade.PlanTargets | cmd/fleettyctl/cascade.go:22-38 | what all plans of a level say about what was seen, for any interleaving of the workers |
| Cascade.ApplyOne | cmd/fleettyctl/cascade.go:85-114 | what a single result says about what happened to its target and below |
| Cascade.ApplyTargets | cmd/fleettyctl/cascade.go:77-116 | for any interleaving, no installer starts before its target is guarded, and results without error account for whole subtrees |
| Cascade.RunRelay | cmd/fleettyctl/cascade.go:118-210 | what a finished or broken call to a relay tells its caller |
| Cascade.RunCascade | cmd/fleettyctl/main.go:109-145 | a rehearsal installs nothing; a healthy run accounts for every target; if no call fails, everything succeeds |
| Cascade.InterleavingIsSafe | cmd/fleettyctl/cascade.go:29-37 | two safe parts may run at once in any order of their steps |
| Cascade.InstalledAfterRehearsals | cmd/fleettyctl/cascade.go:77-116 | before any installer starts, every relay above its target had passed a rehearsal that was clean for every target below that relay which could be reached, and the target's own plan had no error |
| Cascade.CleanRunMeans | cmd/fleettyctl/cascade.go:40-75 | after a clean rehearsal every target below, at any depth, was planned or rehearsed without error, or it or a relay above it could not be reached |
| Cascade.AccountedMeans | cmd/fleettyctl/cascade.go:105-112 | below a relay reported as relayed, every target at any depth ended without error or hangs below an unreachable relay |
| Cascade.ShapeIsKept | cmd/fleettyctl/cascade.go:148-172 | the tree a relay works on has the shape of the tree it was sent |
| Cascade.LoadedIsWellShaped | cmd/fleettyctl/manifest.go:217-222 | in a loaded tree every relay has targets below it |
| FileTransaction.UndoRestores | cmd/fleetty/ops.go:554-581 | taking back one replacement gives exactly the files before it |
| FileTransaction.Transaction.Replace | cmd/fleetty/ops.go:498-582 | a replacement happens in full and is logged, or no file changes (if cleaning up works); if no call fails for a reason of its own, it is refused only where something else stands or a backup exists |
| FileTransaction.Transaction.Rollback | cmd/fleetty/ops.go:614-622 | the log is taken back, last replacement first |
| FileTransaction.Transaction.Commit | cmd/fleetty/ops.go:624-637 | exactly the backups disappear |
| Install.RunIsUndone | cmd/fleetty/ops.go:323-358 | taking back the log of any run, repeated paths included, restores the files of the start |
| Install.BackupComesFrom | cmd/fleetty/ops.go:555-568 | where each backup comes from |
| Install.InstalledExactly | cmd/fleetty/ops.go:331-417 | a committed run leaves every file in place if and only if none stands at the backup path of an earlier, changed one |
| Install.ClashExample | cmd/fleetty/ops.go:352-358 | two configuration files of which the second is lost |
| Install.SecondRunIsIdle | cmd/fleetty/ops.go:504-515 | installing the same files again, with another backup suffix, replaces nothing |
| Install.IdleExactly | cmd/fleetty/ops.go:513-515 | nothing is replaced if and only if everything was in place |
| Install.ReplaceAll | cmd/fleetty/ops.go:323-358 | all files are dealt with, or all are as before; if no call fails for a reason of its own, it gives up only on a file that cannot be put in place |
| Install.Restore | cmd/fleetty/ops.go:369-382 | files, enabled and active state return to what was observed |
| Install.InstallFleetty | cmd/fleetty/ops.go:282-418 | success: files in place, enabled, active, and running what was installed if anything changed or nothing ran; failure before the commit: files and service as before; if no call fails for a reason of its own, it succeeds exactly when every file can be put in place |
| StorageScan.Scanner.ScanEntry | cmd/fleetty/storage_map.go:581-666 | scanning a tree has the effect of its atomic steps, and the progress entry moves by the returned counts |
| StorageScan.Scanner.ScanDirectory | cmd/fleetty/storage_map.go:624-665 | the same for a directory, unreadable ones included |
| StorageScan.Scanner.ScanChildren | cmd/fleetty/storage_map.go:647-665 | the same for the loop over children |
| StorageScan.Scanner.ClaimFile | cmd/fleetty/storage_map.go:775-783 | the first claim of an inode wins |
| StorageScan.Scanner.RecordProgress | cmd/fleetty/storage_map.go:797-813 | total and entry move by the recorded counts |
| StorageParallel.AnyStepStaysUnderway | cmd/fleetty/storage_map.go:713-727 | whichever worker steps next, the end of the scan stays the same |
| StorageParallel.AloneWorksOff | cmd/fleetty/storage_map.go:581-666 | an uninterrupted scan ends with all counts and with the bytes of each new inode once |
| StorageParallel.ScanChildrenParallel | cmd/fleetty/storage_map.go:680-766 | any interleaving of workers ends with the shared state and totals of the sequential scan; progress equals the returned totals overall and for each child: every entry is its child's own counts and the bytes of the inodes that child was the first to claim, each inode falls to exactly one child, and the returned list is the entries that found anything, in order |
| StorageParallel.ScanRoot | cmd/fleetty/storage_map.go:527-572 | the scan of a directory: progress equals the total, the total is the directory's own size plus the sum of its entries, and the entries are the children's shares |
| StorageParallel.TotalsCountInodesOnce | cmd/fleetty/storage_map.go:605-616 | the total is the sum of all unlinked sizes plus each hard-linked inode once |
| UpdateChannel.Channel.Publish | cmd/fleetty/storage_map.go:240-253 | publishing never waits, whether or not anyone reads, and the newest update is waiting or was read last |
| UpdateChannel.Channel.Produce | cmd/fleetty/storage_map.go:223-237 | the final update of a scan is never replaced by another |
| UpdateChannel.Channel.ReadToEnd | cmd/fleetty/storage_map.go:255-277 | whoever reads on gets the final update, last |
| UpdateChannel.ReadInOrder | cmd/fleetty/storage_duplicates.go:266-300 | what was read is a subsequence, in order, of what was published |
| LruList.WithinMeansPrefix | cmd/fleetty/storage_map.go:496-501 | the test on the relative path holds exactly for the directory and what is below it |
| LruList.RunIsCurrent | cmd/fleetty/storage_map.go:349-393 | after any run of stores, lookups and invalidations at most 32 entries remain, in the order of their last touches, each with the value stored last |
| LruList.EvictsOldest | cmd/fleetty/storage_map.go:368-372 | a store that makes room drops exactly the least recently touched entry |
| LruList.InvalidationIsExact | cmd/fleetty/storage_actions.go:252-270 | an invalidation leaves no ancestor and no descendant of the path, and everything else |
| StorageMap.MapState.CacheResult | cmd/fleetty/storage_map.go:349-373 | map and order together perform the list's store |
| StorageMap.MapState.CachedResult | cmd/fleetty/storage_map.go:375-393 | map and order together perform the list's lookup and touch |
| StorageMap.MapState.CacheCurrentResult | cmd/fleetty/storage_map.go:329-347 | what is displayed is stored unless there is nothing worth storing or a finished map is stored already |
| StorageMap.MapState.InvalidateMutation | cmd/fleetty/storage_actions.go:252-270 | map and order together perform the list's invalidation |
| StorageMap.MapState.BeginScanMode | cmd/fleetty/storage_map.go:170-238 | turning to a directory shows its cached map or nothing, under a new generation, and scans unless the cached map is complete and recent |
| StorageMap.MapState.ApplyResult | cmd/fleetty/storage_map.go:286-314 | only a message of the current generation changes anything, and what it changes in each case |
| StorageMap.MapState.ApplyProgress | cmd/fleetty/storage_map.go:316-327 | the same for partial results, which count only while scanning |
| StorageMap.MapState.SwitchPage | cmd/fleetty/dashboard_pages.go:1276-1303 | leaving the page gives up a running scan; coming back scans only if there is no finished map |
| StorageMap.MapState.PrepareAction | cmd/fleetty/storage_actions.go:74-79 | preparing an action gives up a running scan |
| StorageMap.MapState.BeginDuplicateScan | cmd/fleetty/storage_duplicates.go:111-113 | looking for duplicates gives up a running scan |
| StorageMap.MapState.ApplyActionResult | cmd/fleetty/storage_actions.go:219-250 | the cache forgets everything related to the changed path, then the parent is refreshed; exactly when something related to the changed path is in the cache afterwards |
| StorageMap.MapState.NavigateParent | cmd/fleetty/storage_map.go:411-425 | navigation goes up one directory and never above the root |
| StorageMap.MapState.Handle | cmd/fleetty/main.go:460-465 | every event keeps the displayed map from being stale, and messages of other generations change nothing |
| StorageMap.MapState.HandleAll | cmd/fleetty/main.go:460-470 | over any run of events the displayed map is empty or belongs to the displayed directory, and the cache is the bounded list of its own operations, in the order of last touches |
| StorageMap.RefreshRestoresOldMap | cmd/fleetty/storage_actions.go:219-250 | the refresh after an action shows and caches the old finished map of the directory again |
| StorageMap.ReturnsExactly | cmd/fleetty/storage_actions.go:219-250 | after an action and the refresh of its directory, the cache holds something related to the changed path if and only if the displayed map was related to it and finished or not empty |
| StorageMap.ReturnExample | cmd/fleetty/storage_actions.go:219-250 | a deleted file whose directory's old map is cached again |
| StoragePager.PageRanges | cmd/fleetty/storage_map.go:1024-1052 | the pages partition the entries, fit capacity and size ratio, and none could take in one more entry |
| StoragePager.StartsLater | cmd/fleetty/storage_map.go:1035-1046 | with the largest entries first, a page that fits still fits when it starts later |
| StoragePager.FilledIsShortest | cmd/fleetty/storage_map.go:1033-1050 | with the largest entries first, no valid partition into consecutive pages has fewer pages |
| StoragePager.OnOnePage | cmd/fleetty/storage_map.go:1033-1050 | every entry is on exactly one page |
| StoragePager.PageEntries | cmd/fleetty/storage_map.go:1008-1022 | the requested page is moved into range and is that range of the partition, and the number of pages is the least possible |
| StorageTreemap.FindSplit | cmd/fleetty/storage_map.go:1121-1146 | the split is the last one within half of the weight, both parts are non-empty, and the two corrections never apply |
| StorageTreemap.BoxIsDivided | cmd/fleetty/storage_map.go:1147-1156 | a box divides into two positive boxes that share no cell, whatever the rounding |
| StorageTreemap.PlaceTiles | cmd/fleetty/storage_map.go:1111-1157 | the rectangles cover every cell of the box once and no other, and are positive |
| StorageTreemap.PlacedApart | cmd/fleetty/storage_map.go:1111-1157 | the rectangles are pairwise disjoint and within the box |
| StorageTreemap.ShownInOrder | cmd/fleetty/storage_map.go:1115-1120 | the shown entries are a subsequence of the given ones |
| StorageTreemap.Layout.PlaceItems | cmd/fleetty/storage_map.go:1110-1158 | the recursion appends exactly those rectangles |
| StorageTreemap.LayoutTreemap | cmd/fleetty/storage_map.go:1096-1161 | the layout of a page tiles its box with entries in their order |
| RpcPool.StepMovesToken | cmd/fleetty/rpc_pool.go:63-68 | a step moves the token between the gate and the stepping caller and changes no other caller |
| RpcPool.StepKeepsInv | cmd/fleetty/rpc_pool.go:59-103 | every step of every caller keeps the invariant of pool and gate |
| RpcPool.PoolIsSafe | cmd/fleetty/rpc_pool.go:59-103 | for any number of callers and any schedule: one token or one holder, a free gate means an open or absent connection, no connection is lost, at most two dials and two attempts a call |
| RpcPool.AskingIsExclusive | cmd/fleetty/rpc_pool.go:120-174 | a caller that asks over a connection has it to itself and it is open |
| RpcPool.EveryStepAdvances | cmd/fleetty/rpc_pool.go:59-103 | a caller with the token is through after a bounded number of its steps, so the token comes back |
| RpcPool.OneLossIsSurvived | cmd/fleetty/rpc_pool.go:59-103 | whatever the other callers do, a call that is not given up or declined and loses its connection at most once is answered |
| History.HistoryStore.Record | cmd/fleetty/history.go:83-118 | one sample for each new minute joins the log, whatever file operations fail; memory keeps the retention, and so does the file as long as appends work |
| History.HistoryStore.Recent | cmd/fleetty/history.go:122-136 | a query within the retention equals filtering the log of everything ever recorded |
| History.HistoryStore.AppendFile | cmd/fleetty/history.go:138-153 | a line is appended, or the file may be torn |
| History.HistoryStore.PruneFile | cmd/fleetty/history.go:189-218 | the file is rewritten from memory, which makes it whole again, or left alone |
| History.HistoryStore.TrimMemory | cmd/fleetty/history.go:220-228 | exactly what is older than the retention is dropped |
| History.HistoryStore.Load | cmd/fleetty/history.go:155-187 | reading a faithful file restores the store; a file that cannot be opened leaves it empty, which lacks nothing if and only if nothing recorded is within the retention |
| History.HistoryStore.ReadFile | cmd/fleetty/history.go:164-186 | reading line by line keeps what is readable, recent and later than what was kept |
| History.RunAll | cmd/fleetty/history.go:83-187 | over any run of collections and restarts whose appends work and whose file can be opened, the log is the one the events amount to, and around every restart a query within the retention gives what filtering it gives |
| History.RewrittenExactly | cmd/fleetty/history.go:189-218 | a file rewritten from a memory that lost something is complete if and only if what is missing is beyond the retention |
| History.RewriteExample | cmd/fleetty/history.go:155-218 | two recorded minutes of which the first is lost that way |
| History.LinesAreParsed | cmd/fleetty/history.go:164-180 | written samples are read back, apart from those that are too old |
| History.SearchFilters | cmd/fleetty/history.go:131-135 | the binary search in a rising sequence is a filter |
| History.ReloadAnswersAlike | cmd/fleetty/history.go:155-187 | after a reload every query within the retention gives the same answer |
| WidgetGrid.ColumnWidths | cmd/fleetty/dashboard_widgets.go:76-87 | the columns and the gaps between them fill the width exactly |
| WidgetGrid.NextCandidate | cmd/fleetty/dashboard_widgets.go:129-147 | the first pending widget, or the first further one that still fits; none only if nothing fits |
| WidgetGrid.Flush | cmd/fleetty/dashboard_widgets.go:98-118 | a finished row joins the page without overlap |
| WidgetGrid.RenderGrid | cmd/fleetty/dashboard_widgets.go:75-175 | the packer ends, draws every visible widget once, places those with content once, keeps them disjoint and inside the width, and starts each row with the earliest pending widget |
| CpuChart.FittingColumns | cmd/fleetty/cpu_chart.go:49-56 | the most bars that fit, in whole groups of sixteen if a group fits |
| CpuChart.NewLayout | cmd/fleetty/cpu_chart.go:48-77 | the number of bars is determined by the number of cores and the width, the layout fits the width, and the page is the one of the selected core |
| CpuChart.OnOnePage | cmd/fleetty/cpu_chart.go:57-60 | over all selections the pages partition the cores: each core is on the page that selecting it shows and on no other |
| CpuChart.FittingMeans | cmd/fleetty/cpu_chart.go:49-56 | no larger number of bars, in whole groups or less than one, fits |
| CpuChart.BarsTile | cmd/fleetty/cpu_chart.go:81-86 | bars are positive, tile the plot with one blank after every sixteenth, and end at its edge |
| CpuChart.BarsInPlot | cmd/fleetty/cpu_chart.go:81-86 | every bar lies inside the plot |
| CpuChart.CoreAt | cmd/fleetty/cpu_chart.go:276-297 | a click finds the core whose bar covers the cell, and none exactly if no bar covers it |
| CpuChart.OneCore | cmd/fleetty/cpu_chart.go:276-297 | no cell belongs to two cores, so the click arithmetic inverts the drawing |

## Left out

- Interference that renames or links an existing object onto another path, and new names at the path being replaced or
  in a private workspace: other processes may do anything else. `MovedFiles` states what a rename can do.
- Directories reached through symbolic links, and absolute link targets: a path is resolved name by name, and only its
  last name may be a link. Where a parent directory is itself a link, a relative link may lead elsewhere; the program
  then sees that it does and puts the duplicate back.
- DedupeLink.BindingHeld: assumes that no existing object is renamed onto the path.
- DedupeLink.HashHeld: assumes the same; `MovedFiles.IdentityDecides` does not.
- Names below a directory that is moved or removed: a directory is one object and its tree is its contents. Whether the
  parent of a new name exists is not checked either.
- Reading a file while it is hashed: hashing is one call that sees one state of the file.
- SHA-256, SSH, SCP, HTTP, 7z, systemd and JSON: each is a step that succeeds or fails; digests are an arbitrary
  function, and where equal digests must mean equal contents, freedom from collisions on the disk at hand is assumed.
- The header of the dedupe script (interpreter line, check for the executable) and the displayed size texts.
- Validation of a storage action before it starts (mount points, root and parent checks) and the choice between its
  kinds: the modelled operations take the confirmed identity as it is.
- Relative paths on the command line of the dedupe command.
- The release section of a manifest, the size limit of the manifest file, and the checks inside a configuration
  directory: a directory is usable or not.
- Hub-side planning of an update, where the text of an error decides whether a target is deferred; the cascade of plans
  and results below it is modelled.
- A remote process that outlives its broken connection: a call that breaks off has done some first part of its work.
- Deadlines: a step may fail at any point instead.
- Creating directories and changing their modes during installation.
- Install.InstallFleetty: does not promise anything about files when the calls that clean up fail themselves, nor about
  the service when its restoring commands fail; then the program reports an error and gives up as well.
- History.HistoryStore.Load: promises agreement with the log only if no append was lost since the file was last written
  as a whole; the program cannot tell either.
- StorageParallel.ScanChildrenParallel: cancellation is not part of it; a cancelled scan returns no result.
- Sorting the entries of a scan and the groups of a duplicate search by size for display.
- What a page looks like: text, colours, key hints. Only its integer geometry is modelled.
- What a node answers: the model of the connection pool records only whether a call got an answer.
- 64-bit wrap-around of sizes and generations: numbers are unbounded.
